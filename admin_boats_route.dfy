/** The admin boats route: `GET` lists boats by name, `POST` updates a boat and
    optionally replaces its groups, `PUT` creates a boat with defaults. */
module AdminBoatsRoute {
  import opened Model
  import opened Wrappers
  import opened Seqs
  import opened Ordering
  import opened Store
  import opened AdminLib

  /** Ascending by name, compared character by character. */
  function ByName(): (Boat, Boat) -> bool
  {
    (a: Boat, b: Boat) => LexLe(a.name, b.name)
  }

  lemma ByNameIsPreorder()
    ensures TotalPreorder(ByName())
  {
    forall a: Boat, b: Boat ensures ByName()(a, b) || ByName()(b, a) {
      LexLeTotal(a.name, b.name);
    }
    forall a: Boat, b: Boat, c: Boat | ByName()(a, b) && ByName()(b, c) ensures ByName()(a, c) {
      LexLeTransitive(a.name, b.name, c.name);
    }
  }

  /** `GET /api/admin/boats`. */
  method Get(db: Store, caller: Option<Id>, adminQueryFails: bool, queryFails: bool) returns (status: Http, rows: seq<Boat>)
    ensures caller.None? ==> status == Unauthorized
    ensures caller.Some? && !IsAdminInStore(db.userGroups, db.groups, caller.value, adminQueryFails) ==> status == Forbidden
    ensures status == Ok <==> caller.Some? && IsAdminInStore(db.userGroups, db.groups, caller.value, adminQueryFails) && !queryFails
    ensures status != Ok ==> rows == []
    ensures status == Ok ==> multiset(rows) == multiset(db.boats)
    ensures forall i, j :: 0 <= i < j < |rows| ==> LexLe(rows[i].name, rows[j].name)
  {
    var gate := Authorize(db.userGroups, db.groups, caller, adminQueryFails);
    if gate.Failure? {
      RequireAdminStatus(caller, caller.Some? && IsAdminInStore(db.userGroups, db.groups, caller.value, adminQueryFails));
      return ErrorStatus(gate.error), [];
    }
    if queryFails {
      return ServerError, [];
    }
    ByNameIsPreorder();
    rows := SortBy(db.boats, ByName());
    assert SortedBy(rows, ByName());
    status := Ok;
  }

  /** The body of `POST`. A field absent from the JSON is None: supabase-js
      drops undefined keys, so the column keeps its value. `groupIds` is None
      when it is not an array. */
  datatype BoatUpdate = BoatUpdate(
    boatId: Id,
    name: Option<string>,
    description: Option<Option<string>>,
    capacity: Option<int>,
    imageUrl: Option<Option<string>>,
    isActive: Option<bool>,
    groupIds: Option<seq<Id>>)

  /** One row after `update({ name, description, capacity, imageUrl, isActive })`. */
  function ApplyUpdate(b: Boat, u: BoatUpdate): (r: Boat)
    ensures r.id == b.id && r.boatType == b.boatType
    ensures r.name == (if u.name.Some? then u.name.value else b.name)
    ensures r.description == (if u.description.Some? then u.description.value else b.description)
    ensures r.capacity == (if u.capacity.Some? then u.capacity.value else b.capacity)
    ensures r.imageUrl == (if u.imageUrl.Some? then u.imageUrl.value else b.imageUrl)
    ensures r.isActive == (u.isActive.None? || u.isActive.value)
  {
    b.(name := u.name.GetOr(b.name),
       description := u.description.GetOr(b.description),
       capacity := u.capacity.GetOr(b.capacity),
       imageUrl := u.imageUrl.GetOr(b.imageUrl),
       isActive := u.isActive.GetOr(true))
  }

  /** `.eq('id', boatId)`: the update applies to the rows with that id only. */
  function UpdateBoats(boats: seq<Boat>, u: BoatUpdate): (r: seq<Boat>)
    ensures |r| == |boats|
    ensures forall i :: 0 <= i < |r| ==> r[i] == (if boats[i].id == u.boatId then ApplyUpdate(boats[i], u) else boats[i])
  {
    seq(|boats|, i requires 0 <= i < |boats| => if boats[i].id == u.boatId then ApplyUpdate(boats[i], u) else boats[i])
  }

  /** An update that carries every field is the same whatever the row held before. */
  lemma FullUpdateForgetsOldValues(b1: Boat, b2: Boat, u: BoatUpdate)
    requires b1.id == b2.id && b1.boatType == b2.boatType
    requires u.name.Some? && u.description.Some? && u.capacity.Some? && u.imageUrl.Some?
    ensures ApplyUpdate(b1, u) == ApplyUpdate(b2, u)
  {
  }

  /** `delete().eq('boatId', boatId)`: the rows of other boats, in order. */
  function WithoutBoat(rows: seq<BoatGroup>, boatId: Id): seq<BoatGroup>
  {
    Filter(rows, (bg: BoatGroup) => bg.boatId != boatId)
  }

  /** `groupIds.map(groupId => ({ boatId, groupId }))`. */
  function BoatGroupsOf(boatId: Id, groupIds: seq<Id>): (r: seq<BoatGroup>)
    ensures |r| == |groupIds|
    ensures forall i :: 0 <= i < |r| ==> r[i] == BoatGroup(boatId, groupIds[i])
  {
    seq(|groupIds|, i requires 0 <= i < |groupIds| => BoatGroup(boatId, groupIds[i]))
  }

  lemma {:induction false} BoatGroupIdsAppend(a: seq<BoatGroup>, b: seq<BoatGroup>, boatId: Id)
    ensures BoatGroupIds(a + b, boatId) == BoatGroupIds(a, boatId) + BoatGroupIds(b, boatId)
  {
    if a == [] {
      assert a + b == b;
    } else {
      assert (a + b)[1..] == a[1..] + b;
      BoatGroupIdsAppend(a[1..], b, boatId);
    }
  }

  lemma {:induction false} WithoutBoatIds(rows: seq<BoatGroup>, boatId: Id, other: Id)
    ensures BoatGroupIds(WithoutBoat(rows, boatId), boatId) == []
    ensures other != boatId ==> BoatGroupIds(WithoutBoat(rows, boatId), other) == BoatGroupIds(rows, other)
  {
    if rows != [] {
      WithoutBoatIds(rows[1..], boatId, other);
      var rest := WithoutBoat(rows[1..], boatId);
      if rows[0].boatId != boatId {
        assert WithoutBoat(rows, boatId) == [rows[0]] + rest;
        assert ([rows[0]] + rest)[1..] == rest;
      }
    }
  }

  lemma {:induction false} BoatGroupsOfIds(boatId: Id, groupIds: seq<Id>, other: Id)
    ensures BoatGroupIds(BoatGroupsOf(boatId, groupIds), boatId) == groupIds
    ensures other != boatId ==> BoatGroupIds(BoatGroupsOf(boatId, groupIds), other) == []
  {
    if groupIds != [] {
      BoatGroupsOfIds(boatId, groupIds[1..], other);
      assert BoatGroupsOf(boatId, groupIds)[1..] == BoatGroupsOf(boatId, groupIds[1..]);
    }
  }

  /** The BoatGroup table after a successful replacement. */
  function ReplaceBoatGroups(rows: seq<BoatGroup>, boatId: Id, groupIds: seq<Id>): seq<BoatGroup>
  {
    WithoutBoat(rows, boatId) + BoatGroupsOf(boatId, groupIds)
  }

  /** Replacing sets the boat's groups to exactly `groupIds` and leaves every
      other boat's groups as they were. */
  lemma ReplaceBoatGroupsIds(rows: seq<BoatGroup>, boatId: Id, groupIds: seq<Id>, other: Id)
    ensures BoatGroupIds(ReplaceBoatGroups(rows, boatId, groupIds), boatId) == groupIds
    ensures other != boatId ==> BoatGroupIds(ReplaceBoatGroups(rows, boatId, groupIds), other) == BoatGroupIds(rows, other)
  {
    BoatGroupIdsAppend(WithoutBoat(rows, boatId), BoatGroupsOf(boatId, groupIds), boatId);
    BoatGroupIdsAppend(WithoutBoat(rows, boatId), BoatGroupsOf(boatId, groupIds), other);
    WithoutBoatIds(rows, boatId, other);
    BoatGroupsOfIds(boatId, groupIds, other);
  }

  /** `POST /api/admin/boats`. A failed update answers 500 before any
      BoatGroup row is touched; the delete's own error is not checked. */
  method Post(db: Store, caller: Option<Id>, adminQueryFails: bool, u: BoatUpdate,
              updateFails: bool, deleteFails: bool, insertFails: bool) returns (status: Http)
    modifies db
    ensures db.bookings == old(db.bookings) && db.userGroups == old(db.userGroups)
    ensures db.users == old(db.users) && db.groups == old(db.groups)
    ensures caller.None? ==> status == Unauthorized
    ensures caller.Some? && !IsAdminInStore(old(db.userGroups), old(db.groups), caller.value, adminQueryFails) ==> status == Forbidden
    ensures status == Unauthorized || status == Forbidden || status == BadRequest ==>
              db.boats == old(db.boats) && db.boatGroups == old(db.boatGroups)
    ensures caller.Some? && IsAdminInStore(old(db.userGroups), old(db.groups), caller.value, adminQueryFails) ==>
              if u.boatId == "" then status == BadRequest
              else if updateFails then status == ServerError && db.boats == old(db.boats) && db.boatGroups == old(db.boatGroups)
              else if u.groupIds.Some? && |u.groupIds.value| > 0 && insertFails then status == ServerError
              else status == Ok
    ensures status == Ok || (status == ServerError && !updateFails) ==> db.boats == UpdateBoats(old(db.boats), u)
    ensures status == Ok && u.groupIds.None? ==> db.boatGroups == old(db.boatGroups)
    ensures status == Ok && u.groupIds.Some? && !deleteFails ==>
              db.boatGroups == ReplaceBoatGroups(old(db.boatGroups), u.boatId, u.groupIds.value)
    ensures status == Ok && u.groupIds.Some? && deleteFails ==>
              db.boatGroups == old(db.boatGroups) + BoatGroupsOf(u.boatId, u.groupIds.value)
    ensures status == ServerError && !updateFails && !deleteFails ==>
              db.boatGroups == WithoutBoat(old(db.boatGroups), u.boatId)
    ensures status == ServerError && !updateFails && deleteFails ==> db.boatGroups == old(db.boatGroups)
  {
    var gate := Authorize(db.userGroups, db.groups, caller, adminQueryFails);
    if gate.Failure? {
      RequireAdminStatus(caller, caller.Some? && IsAdminInStore(db.userGroups, db.groups, caller.value, adminQueryFails));
      return ErrorStatus(gate.error);
    }
    if u.boatId == "" {
      return BadRequest;
    }
    if updateFails {
      return ServerError;
    }
    db.boats := UpdateBoats(db.boats, u);
    if u.groupIds.Some? {
      if !deleteFails {
        db.boatGroups := WithoutBoat(db.boatGroups, u.boatId);
      }
      if |u.groupIds.value| > 0 {
        if insertFails {
          return ServerError;
        }
        db.boatGroups := db.boatGroups + BoatGroupsOf(u.boatId, u.groupIds.value);
      } else {
        assert BoatGroupsOf(u.boatId, u.groupIds.value) == [];
        assert db.boatGroups + [] == db.boatGroups;
      }
    }
    return Ok;
  }

  /** The body of `PUT`. Absent, null and empty values all arrive as None or
      as the falsy value they are; `groupIds` is None when it is not an array. */
  datatype NewBoat = NewBoat(
    name: string,
    description: Option<string>,
    capacity: Option<int>,
    imageUrl: Option<string>,
    isActive: Option<bool>,
    groupIds: Option<seq<Id>>)

  /** `value || null` on an optional string. */
  function OrNull(s: Option<string>): (r: Option<string>)
    ensures r.None? <==> s.None? || s.value == ""
    ensures r.Some? ==> r == s
  {
    if s.Some? && s.value != "" then s else None
  }

  /** The row `PUT` inserts, with the store-generated id. */
  function CreatedBoat(id: Id, nb: NewBoat): (b: Boat)
    ensures b.id == id && b.name == nb.name && b.boatType.None?
    ensures b.description == OrNull(nb.description) && b.imageUrl == OrNull(nb.imageUrl)
    ensures b.capacity == (if nb.capacity.None? || nb.capacity.value == 0 then 1 else nb.capacity.value)
    ensures b.capacity != 0
    ensures b.isActive == (nb.isActive.None? || nb.isActive.value)
  {
    Boat(id, nb.name, OrNull(nb.description),
         if nb.capacity.Some? && nb.capacity.value != 0 then nb.capacity.value else 1,
         OrNull(nb.imageUrl), nb.isActive.GetOr(true), None)
  }

  /** `PUT /api/admin/boats`. A failed group insert is only logged: the new
      boat is still returned. */
  method Put(db: Store, caller: Option<Id>, adminQueryFails: bool, nb: NewBoat, newId: Id,
             insertFails: bool, groupInsertFails: bool) returns (status: Http, created: Option<Boat>)
    modifies db
    ensures db.bookings == old(db.bookings) && db.userGroups == old(db.userGroups)
    ensures db.users == old(db.users) && db.groups == old(db.groups)
    ensures caller.None? ==> status == Unauthorized
    ensures caller.Some? && !IsAdminInStore(old(db.userGroups), old(db.groups), caller.value, adminQueryFails) ==> status == Forbidden
    ensures caller.Some? && IsAdminInStore(old(db.userGroups), old(db.groups), caller.value, adminQueryFails) ==>
              if nb.name == "" then status == BadRequest
              else if insertFails then status == ServerError
              else status == Ok
    ensures status == Ok <==> created.Some?
    ensures status != Ok ==> db.boats == old(db.boats) && db.boatGroups == old(db.boatGroups)
    ensures status == Ok ==> created.value == CreatedBoat(newId, nb) && db.boats == old(db.boats) + [created.value]
    ensures status == Ok && nb.groupIds.Some? && !groupInsertFails ==>
              db.boatGroups == old(db.boatGroups) + BoatGroupsOf(newId, nb.groupIds.value)
    ensures status == Ok && (nb.groupIds.None? || groupInsertFails) ==> db.boatGroups == old(db.boatGroups)
  {
    created := None;
    var gate := Authorize(db.userGroups, db.groups, caller, adminQueryFails);
    if gate.Failure? {
      RequireAdminStatus(caller, caller.Some? && IsAdminInStore(db.userGroups, db.groups, caller.value, adminQueryFails));
      return ErrorStatus(gate.error), None;
    }
    if nb.name == "" {
      return BadRequest, None;
    }
    if insertFails {
      return ServerError, None;
    }
    var boat := CreatedBoat(newId, nb);
    db.boats := db.boats + [boat];
    if nb.groupIds.Some? && |nb.groupIds.value| > 0 {
      if !groupInsertFails {
        db.boatGroups := db.boatGroups + BoatGroupsOf(newId, nb.groupIds.value);
      }
    } else if nb.groupIds.Some? {
      assert BoatGroupsOf(newId, nb.groupIds.value) == [];
      assert db.boatGroups + [] == db.boatGroups;
    }
    return Ok, Some(boat);
  }

  /** A boat without rows has no group ids. */
  lemma {:induction false} NoRowsNoGroupIds(rows: seq<BoatGroup>, boatId: Id)
    requires forall r :: r in rows ==> r.boatId != boatId
    ensures BoatGroupIds(rows, boatId) == []
  {
    if rows != [] {
      NoRowsNoGroupIds(rows[1..], boatId);
    }
  }

  /** When the new id is fresh, the groups `PUT` inserts are exactly the given ids. */
  lemma {:induction false} CreatedBoatGroups(rows: seq<BoatGroup>, newId: Id, groupIds: seq<Id>)
    requires forall r :: r in rows ==> r.boatId != newId
    ensures BoatGroupIds(rows + BoatGroupsOf(newId, groupIds), newId) == groupIds
  {
    BoatGroupIdsAppend(rows, BoatGroupsOf(newId, groupIds), newId);
    BoatGroupsOfIds(newId, groupIds, newId);
    NoRowsNoGroupIds(rows, newId);
  }
}
