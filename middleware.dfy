/** The request middleware: for a signed-in user it records the time of the
    request as `lastLogin`, and it signs out and redirects a user whose row is
    marked inactive. The session lookup, the clock and the failure of each
    query are parameters. */
module Middleware {
  import opened Wrappers
  import opened Model
  import opened Seqs
  import opened Store

  const SIGN_IN_PATH := "/auth/signin"
  const ACCOUNT_DISABLED := "account_disabled"

  /** What the middleware answers with. */
  datatype Outcome =
    | PassThrough
    | SignOutAndRedirect(path: string, error: string)

  function HasId(id: Id): User -> bool
  {
    (u: User) => u.id == id
  }

  /** `User.eq('id', id).single()`: the one row with that id, or nothing when
      there is none (or more than one). */
  function FindUser(users: seq<User>, id: Id): (r: Option<User>)
    ensures r.Some? ==> r.value in users && r.value.id == id
    ensures r.Some? <==> |Filter(users, HasId(id))| == 1
  {
    var matches := Filter(users, HasId(id));
    FilterMembers(users, HasId(id));
    if |matches| == 1 then Some(matches[0]) else None
  }

  /** `update({ lastLogin: now }).eq('id', id)`: every row with that id gets
      the new time; nothing else changes. */
  function SetLastLogin(users: seq<User>, id: Id, now: Instant): (r: seq<User>)
    ensures |r| == |users|
    ensures forall i :: 0 <= i < |users| && users[i].id == id ==> r[i] == users[i].(lastLogin := Some(now))
    ensures forall i :: 0 <= i < |users| && users[i].id != id ==> r[i] == users[i]
  {
    seq(|users|, i requires 0 <= i < |users| => if users[i].id == id then users[i].(lastLogin := Some(now)) else users[i])
  }

  /** The rows with a given id keep their number under the update. */
  lemma {:induction false} SetLastLoginKeepsMatches(users: seq<User>, id: Id, now: Instant, other: Id)
    ensures |Filter(SetLastLogin(users, id, now), HasId(other))| == |Filter(users, HasId(other))|
  {
    if users != [] {
      SetLastLoginKeepsMatches(users[1..], id, now, other);
      assert SetLastLogin(users, id, now)[1..] == SetLastLogin(users[1..], id, now);
    }
  }

  /** The rows the update matches are the rows with the id, each with the
      new time. */
  lemma {:induction false} SetLastLoginOnMatches(users: seq<User>, id: Id, now: Instant)
    ensures var before := Filter(users, HasId(id));
            var after := Filter(SetLastLogin(users, id, now), HasId(id));
            && |after| == |before|
            && forall k :: 0 <= k < |before| ==> after[k] == before[k].(lastLogin := Some(now))
  {
    if users != [] {
      SetLastLoginOnMatches(users[1..], id, now);
      assert SetLastLogin(users, id, now)[1..] == SetLastLogin(users[1..], id, now);
    }
  }

  /** Recording the login never changes whether a user is active, so the next
      request of the same user meets the same decision. */
  lemma SetLastLoginKeepsDecision(users: seq<User>, id: Id, now: Instant)
    ensures FindUser(SetLastLogin(users, id, now), id).Some? <==> FindUser(users, id).Some?
    ensures FindUser(users, id).Some? ==>
              FindUser(SetLastLogin(users, id, now), id).value == FindUser(users, id).value.(lastLogin := Some(now))
  {
    SetLastLoginOnMatches(users, id, now);
  }

  /** The decision for a request: an inactive row signs the user out. */
  function Decide(row: Option<User>): (o: Outcome)
    ensures o.SignOutAndRedirect? <==> row.Some? && !row.value.isActive
    ensures o.SignOutAndRedirect? ==> o.path == SIGN_IN_PATH && o.error == ACCOUNT_DISABLED
  {
    if row.Some? && !row.value.isActive then SignOutAndRedirect(SIGN_IN_PATH, ACCOUNT_DISABLED) else PassThrough
  }

  /** `middleware`: `sessionUser` is what `auth.getUser()` returned. The row
      query may fail (no row seen); the update's own failure is not checked. */
  method Handle(db: Store, sessionUser: Option<Id>, now: Instant, rowQueryFails: bool, updateFails: bool)
    returns (outcome: Outcome)
    modifies db
    ensures db.boats == old(db.boats) && db.bookings == old(db.bookings) && db.boatGroups == old(db.boatGroups)
    ensures db.userGroups == old(db.userGroups) && db.groups == old(db.groups)
    ensures sessionUser.None? ==> outcome == PassThrough && db.users == old(db.users)
    ensures sessionUser.Some? ==>
              var row := if rowQueryFails then None else FindUser(old(db.users), sessionUser.value);
              && outcome == Decide(row)
              && db.users == (if row.Some? && !updateFails then SetLastLogin(old(db.users), sessionUser.value, now)
                              else old(db.users))
  {
    if sessionUser.None? {
      return PassThrough;
    }
    var id := sessionUser.value;
    var row := if rowQueryFails then None else FindUser(db.users, id);
    if row.Some? && !updateFails {
      db.users := SetLastLogin(db.users, id, now);
    }
    if row.Some? && !row.value.isActive {
      return SignOutAndRedirect(SIGN_IN_PATH, ACCOUNT_DISABLED);
    }
    return PassThrough;
  }
}
