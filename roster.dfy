/**
 * The admin routes on accounts: `add_user`, `toggle_representative`,
 * `toggle_user_active` and `delete_user`.
 */
module Roster {
  import opened Basics
  import opened Accounts
  import opened Bookings

  /** The result of an account operation with the user and booking tables it leaves. */
  datatype Change<T> = Change(result: Result<T, Failure>, users: map<UserId, User>, rows: seq<Booking>)

  /** The `unique=True` constraint on the username column. */
  predicate UsernamesUnique(users: map<UserId, User>)
  {
    forall a, b :: a in users && b in users && users[a].username == users[b].username ==> a == b
  }

  /** `User.query.filter_by(username=...).first()` finds someone. */
  predicate UsernameInUse(users: map<UserId, User>, username: string)
  {
    exists id :: id in users && users[id].username == username
  }

  /** Some booking row is owned by the user. */
  predicate OwnsAny(rows: seq<Booking>, id: UserId)
  {
    exists i :: 0 <= i < |rows| && rows[i].owner == id
  }

  /** The rows with every override mark naming `id` cleared, as the ORM does when that user is deleted. */
  function ClearOverrides(rows: seq<Booking>, id: UserId): (r: seq<Booking>)
    ensures |r| == |rows|
    ensures forall i :: 0 <= i < |rows| ==>
              r[i] == if rows[i].overrideBy == Some(id) then rows[i].(overrideBy := None) else rows[i]
  {
    if |rows| == 0 then []
    else [if rows[0].overrideBy == Some(id) then rows[0].(overrideBy := None) else rows[0]]
         + ClearOverrides(rows[1..], id)
  }

  /** Every account's role reads as the code sees it. */
  predicate RolesOk(users: map<UserId, User>)
  {
    forall id :: id in users ==> RoleOk(users[id].role)
  }

  /**
   * `add_user`: a new active account under a fresh key, unless the name is taken.
   * The role is the form's text, stored as given.
   */
  function AddUserOutcome(users: map<UserId, User>, rows: seq<Booking>, actorId: UserId, newId: UserId,
                          username: string, roleText: string, isRepresentative: bool): Change<UserId>
    requires newId !in users
  {
    if AdminGate(users, actorId).Some? then Change(Err(AdminGate(users, actorId).value), users, rows)
    else if UsernameInUse(users, username) then Change(Err(UsernameTaken), users, rows)
    else Change(Ok(newId), users[newId := User(username, RoleOf(roleText), isRepresentative, true)], rows)
  }

  /** `toggle_representative`: flips the flag of a student; other roles are refused. */
  function ToggleRepresentativeOutcome(users: map<UserId, User>, rows: seq<Booking>, actorId: UserId,
                                       target: UserId): Change<()>
  {
    if AdminGate(users, actorId).Some? then Change(Err(AdminGate(users, actorId).value), users, rows)
    else if target !in users then Change(Err(NotFound), users, rows)
    else if users[target].role != Student then Change(Err(NotAStudent), users, rows)
    else Change(Ok(()), users[target := users[target].(isRepresentative := !users[target].isRepresentative)], rows)
  }

  /** `toggle_user_active`: flips whether an account may sign in; never the admin's own. */
  function ToggleActiveOutcome(users: map<UserId, User>, rows: seq<Booking>, actorId: UserId,
                               target: UserId): Change<()>
  {
    if AdminGate(users, actorId).Some? then Change(Err(AdminGate(users, actorId).value), users, rows)
    else if target !in users then Change(Err(NotFound), users, rows)
    else if target == actorId then Change(Err(OwnAccount), users, rows)
    else Change(Ok(()), users[target := users[target].(isActive := !users[target].isActive)], rows)
  }

  /**
   * `delete_user`: never the admin's own account. Deleting sets the bookings' foreign
   * keys to the user to NULL; the owner column does not allow it, so a user who owns
   * bookings cannot be deleted and nothing changes, while override marks are cleared.
   */
  function DeleteUserOutcome(users: map<UserId, User>, rows: seq<Booking>, actorId: UserId,
                             target: UserId): Change<()>
  {
    if AdminGate(users, actorId).Some? then Change(Err(AdminGate(users, actorId).value), users, rows)
    else if target !in users then Change(Err(NotFound), users, rows)
    else if target == actorId then Change(Err(OwnAccount), users, rows)
    else if OwnsAny(rows, target) then Change(Err(OwnsBookings), users, rows)
    else Change(Ok(()), users - {target}, ClearOverrides(rows, target))
  }

  // ---------------------------------------------------------------------------
  // Properties
  // ---------------------------------------------------------------------------

  /**
   * Adding a user keeps usernames unique and roles sound: it is refused exactly when
   * the name is in use, and otherwise adds one active account, whose role reads back
   * as the form's text, and changes no other.
   */
  lemma AddUserKeepsNamesUnique(users: map<UserId, User>, rows: seq<Booking>, actorId: UserId, newId: UserId,
                                username: string, roleText: string, isRepresentative: bool)
    requires newId !in users && UsernamesUnique(users) && RolesOk(users)
    ensures var c := AddUserOutcome(users, rows, actorId, newId, username, roleText, isRepresentative);
            && UsernamesUnique(c.users) && RolesOk(c.users) && c.rows == rows
            && (AdminRequired(SessionUser(users, actorId)) ==>
                  (c.result == Err(UsernameTaken) <==> UsernameInUse(users, username)))
            && (c.result.Err? ==> c.users == users)
            && (c.result.Ok? ==>
                  && c.users.Keys == users.Keys + {newId}
                  && c.users[newId] == User(username, RoleOf(roleText), isRepresentative, true)
                  && RoleText(c.users[newId].role) == roleText
                  && forall id :: id in users ==> c.users[id] == users[id])
  {
    RoleRoundTrip(roleText, RoleOf(roleText));
    var c := AddUserOutcome(users, rows, actorId, newId, username, roleText, isRepresentative);
    if c.result.Ok? {
      forall a, b | a in c.users && b in c.users && c.users[a].username == c.users[b].username
        ensures a == b
      {
        if a != newId && b != newId {
          assert users[a].username == users[b].username;
        }
      }
    }
  }

  /** Toggling the representative flag twice gives back the user table. */
  lemma ToggleRepresentativeTwice(users: map<UserId, User>, rows: seq<Booking>, actorId: UserId, target: UserId)
    requires ToggleRepresentativeOutcome(users, rows, actorId, target).result.Ok?
    ensures var c := ToggleRepresentativeOutcome(users, rows, actorId, target);
            var d := ToggleRepresentativeOutcome(c.users, c.rows, actorId, target);
            d.result.Ok? && d.users == users && d.rows == rows
  {
    var c := ToggleRepresentativeOutcome(users, rows, actorId, target);
    assert SessionUser(c.users, actorId) == SessionUser(users, actorId).(value := c.users[actorId]);
  }

  /** Only a student's flag changes, and nothing else about any account. */
  lemma ToggleRepresentativeOnlyStudents(users: map<UserId, User>, rows: seq<Booking>, actorId: UserId,
                                         target: UserId)
    ensures var c := ToggleRepresentativeOutcome(users, rows, actorId, target);
            && c.rows == rows && c.users.Keys == users.Keys
            && (c.result.Ok? ==> && users[target].role == Student
                                 && IsRepresentative(c.users[target]) == !IsRepresentative(users[target]))
            && (forall id :: id in users ==>
                  c.users[id].(isRepresentative := users[id].isRepresentative) == users[id])
            && (forall id :: id in users && (id != target || c.result.Err?) ==> c.users[id] == users[id])
  {
  }

  /** Toggling an account's active flag twice gives back the user table. */
  lemma ToggleActiveTwice(users: map<UserId, User>, rows: seq<Booking>, actorId: UserId, target: UserId)
    requires ToggleActiveOutcome(users, rows, actorId, target).result.Ok?
    ensures var c := ToggleActiveOutcome(users, rows, actorId, target);
            var d := ToggleActiveOutcome(c.users, c.rows, actorId, target);
            d.result.Ok? && d.users == users && d.rows == rows
  {
    var c := ToggleActiveOutcome(users, rows, actorId, target);
    assert c.users[actorId] == users[actorId];
  }

  /**
   * Toggling an account's active flag goes through exactly for an admin acting on
   * another existing account, flips only that account's flag and changes nothing else.
   */
  lemma ToggleActiveEffect(users: map<UserId, User>, rows: seq<Booking>, actorId: UserId, target: UserId)
    ensures var c := ToggleActiveOutcome(users, rows, actorId, target);
            && c.rows == rows && c.users.Keys == users.Keys
            && (c.result.Ok? <==> AdminGate(users, actorId).None? && target in users && target != actorId)
            && (c.result.Ok? ==> && c.users[target].isActive == !users[target].isActive
                                 && c.users[target].(isActive := users[target].isActive) == users[target])
            && (forall id :: id in users && (id != target || c.result.Err?) ==> c.users[id] == users[id])
  {
  }

  /** An admin can neither deactivate nor delete themselves, so they keep their access. */
  lemma AdminKeepsAccess(users: map<UserId, User>, rows: seq<Booking>, actorId: UserId, target: UserId)
    requires AdminRequired(SessionUser(users, actorId))
    ensures AdminRequired(SessionUser(ToggleActiveOutcome(users, rows, actorId, target).users, actorId))
    ensures AdminRequired(SessionUser(DeleteUserOutcome(users, rows, actorId, target).users, actorId))
    ensures AdminRequired(SessionUser(ToggleRepresentativeOutcome(users, rows, actorId, target).users, actorId))
  {
    assert actorId in users;
    if target != actorId && target in users {
      assert (users - {target})[actorId] == users[actorId];
      assert users[target := users[target].(isActive := !users[target].isActive)][actorId] == users[actorId];
    }
  }

  /**
   * Deleting a user removes exactly that account and every override mark naming it;
   * it goes through only for a user who owns no booking, so every booking's owner
   * still exists, and no booking changes status.
   */
  lemma DeleteUserEffect(users: map<UserId, User>, rows: seq<Booking>, actorId: UserId, target: UserId)
    requires WellFormed(users, rows) && NoDoubleBooking(rows)
    ensures var c := DeleteUserOutcome(users, rows, actorId, target);
            && WellFormed(c.users, c.rows) && NoDoubleBooking(c.rows)
            && (c.result.Err? ==> c.users == users && c.rows == rows)
            && (c.result.Ok? <==>
                  AdminGate(users, actorId).None? && target in users && target != actorId && !OwnsAny(rows, target))
            && (c.result.Ok? ==>
                  && c.users.Keys == users.Keys - {target}
                  && (forall id :: id in c.users ==> c.users[id] == users[id])
                  && |c.rows| == |rows|
                  && forall i :: 0 <= i < |rows| ==>
                       && c.rows[i].overrideBy != Some(target)
                       && c.rows[i].(overrideBy := rows[i].overrideBy) == rows[i]
                       && (rows[i].overrideBy != Some(target) ==> c.rows[i] == rows[i]))
  {
    var c := DeleteUserOutcome(users, rows, actorId, target);
    if c.result.Ok? {
      forall i | 0 <= i < |rows|
        ensures c.rows[i].owner in c.users
      {
        assert rows[i].owner != target;
      }
      forall i, j | 0 <= i < |c.rows| && 0 <= j < |c.rows| && i != j
        ensures !Clash(c.rows[i], c.rows[j])
      {
        assert !Clash(rows[i], rows[j]);
      }
    }
  }

  /** A user who owns a booking cannot be deleted. */
  lemma OwnerCannotBeDeleted(users: map<UserId, User>, rows: seq<Booking>, actorId: UserId, i: nat)
    requires i < |rows| && AdminRequired(SessionUser(users, actorId))
    requires rows[i].owner in users && rows[i].owner != actorId
    ensures DeleteUserOutcome(users, rows, actorId, rows[i].owner).result == Err(OwnsBookings)
  {
    assert OwnsAny(rows, rows[i].owner);
  }
}
