/** The boat listing page: the active boats the signed-in user may book. */
module BoatsPage {
  import opened Wrappers
  import opened Model
  import opened Seqs
  import opened AdminLib
  import opened BookingsRoute

  datatype Page = RedirectToSignIn | Listing(boats: seq<Boat>, showsAdminLink: bool)

  /** `Boat.select(...).eq('isActive', true)`: the candidates, in table order. */
  function ActiveBoats(boats: seq<Boat>): seq<Boat>
  {
    Filter(boats, (b: Boat) => b.isActive)
  }

  /** The candidates that pass the group gate for a user with the given group ids. */
  function AccessibleBoats(boats: seq<Boat>, boatGroups: seq<BoatGroup>, userGroupIds: seq<Id>): seq<Boat>
  {
    Filter(ActiveBoats(boats), (b: Boat) => HasAccess(BoatGroupIds(boatGroups, b.id), userGroupIds))
  }

  /** The page as rendered for `caller`. A failed membership query shows no
      groups; a failed boat query shows no boats. */
  function Render(caller: Option<Id>, boats: seq<Boat>, boatGroups: seq<BoatGroup>, userGroups: seq<UserGroup>,
                  groups: seq<Group>, adminQueryFails: bool, userGroupsQueryFails: bool, boatsQueryFails: bool): (p: Page)
    ensures caller.None? <==> p == RedirectToSignIn
    ensures p.Listing? ==> p.showsAdminLink == IsAdminInStore(userGroups, groups, caller.value, adminQueryFails)
    ensures p.Listing? && boatsQueryFails ==> p.boats == []
    ensures p.Listing? && !boatsQueryFails ==>
              p.boats == AccessibleBoats(boats, boatGroups,
                                         if userGroupsQueryFails then [] else UserGroupIds(userGroups, caller.value))
  {
    if caller.None? then RedirectToSignIn
    else
      var userGroupIds := if userGroupsQueryFails then [] else UserGroupIds(userGroups, caller.value);
      Listing(if boatsQueryFails then [] else AccessibleBoats(boats, boatGroups, userGroupIds),
              IsAdminInStore(userGroups, groups, caller.value, adminQueryFails))
  }

  /** The ids of the groups a boat is restricted to, as a set. */
  function BoatGroupSet(boatGroups: seq<BoatGroup>, boatId: Id): set<Id>
  {
    set r | r in boatGroups && r.boatId == boatId :: r.groupId
  }

  /** A boat is listed exactly when it is active and its group set is empty or
      meets the user's. */
  lemma ListedIff(boats: seq<Boat>, boatGroups: seq<BoatGroup>, userGroupIds: seq<Id>, b: Boat)
    ensures b in AccessibleBoats(boats, boatGroups, userGroupIds) <==>
              && b in boats && b.isActive
              && (BoatGroupSet(boatGroups, b.id) == {}
                  || BoatGroupSet(boatGroups, b.id) * (set g | g in userGroupIds) != {})
  {
    FilterMembers(boats, (b: Boat) => b.isActive);
    FilterMembers(ActiveBoats(boats), (b: Boat) => HasAccess(BoatGroupIds(boatGroups, b.id), userGroupIds));
    var ids := BoatGroupIds(boatGroups, b.id);
    HasAccessIff(ids, userGroupIds);
    assert (set g | g in ids) == BoatGroupSet(boatGroups, b.id) by {
      forall g ensures g in ids <==> g in BoatGroupSet(boatGroups, b.id) {
        if g in ids {
          assert BoatGroup(b.id, g) in boatGroups;
        }
      }
    }
  }

  /** On the rendered page, a boat is shown exactly when it is active and its
      group set is empty or meets the caller's groups (none when the
      membership query failed). */
  lemma RenderedListingIff(caller: Id, boats: seq<Boat>, boatGroups: seq<BoatGroup>, userGroups: seq<UserGroup>,
                           groups: seq<Group>, adminQueryFails: bool, userGroupsQueryFails: bool, b: Boat)
    ensures var ids := if userGroupsQueryFails then [] else UserGroupIds(userGroups, caller);
            var p := Render(Some(caller), boats, boatGroups, userGroups, groups, adminQueryFails, userGroupsQueryFails, false);
            b in p.boats <==>
              && b in boats && b.isActive
              && (BoatGroupSet(boatGroups, b.id) == {} || BoatGroupSet(boatGroups, b.id) * (set g | g in ids) != {})
  {
    ListedIff(boats, boatGroups, if userGroupsQueryFails then [] else UserGroupIds(userGroups, caller), b);
  }

  /** The listing keeps the order of the active boats and only drops some of them. */
  lemma ListingIsSubsequence(boats: seq<Boat>, boatGroups: seq<BoatGroup>, userGroupIds: seq<Id>)
    ensures IsSubseq(AccessibleBoats(boats, boatGroups, userGroupIds), ActiveBoats(boats))
    ensures |AccessibleBoats(boats, boatGroups, userGroupIds)| <= |ActiveBoats(boats)|
  {
    FilterIsSubseq(ActiveBoats(boats), (b: Boat) => HasAccess(BoatGroupIds(boatGroups, b.id), userGroupIds));
  }

  /** A user without groups sees exactly the active boats that have no groups. */
  lemma UserWithoutGroupsSeesOpenBoats(boats: seq<Boat>, boatGroups: seq<BoatGroup>, b: Boat)
    ensures b in AccessibleBoats(boats, boatGroups, []) <==>
              b in boats && b.isActive && forall g :: BoatGroup(b.id, g) !in boatGroups
  {
    ListedIff(boats, boatGroups, [], b);
    if exists g :: BoatGroup(b.id, g) in boatGroups {
      var g :| BoatGroup(b.id, g) in boatGroups;
      assert g in BoatGroupSet(boatGroups, b.id);
    }
  }

  /** The listing and the booking route apply the same gate: when the route's
      lookup finds the boat, its access check passes exactly for listed boats. */
  lemma ListedIffRouteGrantsAccess(boats: seq<Boat>, boatGroups: seq<BoatGroup>, userGroups: seq<UserGroup>,
                                   user: Id, req: BookingRequest, faults: PostFaults, b: Boat)
    requires FindsBoat(boats, Some(user), req, faults) && FindBookableBoat(boats, req.boatId) == Some(b)
    ensures PassesAccessCheck(boats, boatGroups, userGroups, Some(user), req, faults) <==>
              b in AccessibleBoats(boats, boatGroups, SeenUserGroupIds(userGroups, Some(user), faults))
  {
    FilterMembers(boats, (b: Boat) => b.isActive);
    FilterMembers(ActiveBoats(boats), (x: Boat) => HasAccess(BoatGroupIds(boatGroups, x.id), SeenUserGroupIds(userGroups, Some(user), faults)));
  }
}
