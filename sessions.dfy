/**
 * What the checks in front of the routes promise across all of them: an account
 * that is gone or deactivated can do nothing, and only an admin gets past the
 * admin routes. In both cases the route answers with an error and both tables
 * stay as they were.
 */
module Sessions {
  import opened Basics
  import opened Accounts
  import opened Bookings
  import opened Availability
  import opened Transitions
  import opened Roster

  /**
   * `before_request`: a request from a deleted or deactivated account is answered
   * with the login error by every route, and no table changes.
   */
  lemma SignedOutChangesNothing(users: map<UserId, User>, rows: seq<Booking>, actorId: UserId,
                                venue: VenueId, date: Option<Date>, start: string, end: string,
                                upload: Option<string>, bookingId: BookingId, today: Date,
                                venueId: Option<int>, dateText: Option<string>,
                                newId: UserId, username: string, roleText: string, isRepresentative: bool,
                                target: UserId)
    requires WellFormed(users, rows)
    requires actorId !in users || !users[actorId].isActive
    ensures SubmitOutcome(users, rows, actorId, venue, date, start, end, upload) == Outcome(Err(LoginRequired), rows)
    ensures ApproveOutcome(users, rows, actorId, bookingId) == Outcome(Err(LoginRequired), rows)
    ensures RejectOutcome(users, rows, actorId, bookingId) == Outcome(Err(LoginRequired), rows)
    ensures DeleteBookingOutcome(users, rows, actorId, bookingId) == Outcome(Err(LoginRequired), rows)
    ensures CancelOutcome(users, rows, actorId, bookingId, today) == Outcome(Err(LoginRequired), rows)
    ensures AvailabilityOutcome(users, rows, actorId, venueId, dateText, date) == Err(LoginRequired)
    ensures newId !in users ==>
              AddUserOutcome(users, rows, actorId, newId, username, roleText, isRepresentative)
                == Change(Err(LoginRequired), users, rows)
    ensures ToggleRepresentativeOutcome(users, rows, actorId, target) == Change(Err(LoginRequired), users, rows)
    ensures ToggleActiveOutcome(users, rows, actorId, target) == Change(Err(LoginRequired), users, rows)
    ensures DeleteUserOutcome(users, rows, actorId, target) == Change(Err(LoginRequired), users, rows)
  {
  }

  /**
   * `admin_required`: a signed-in user who is not an admin is turned away by every
   * admin route, and no table changes.
   */
  lemma NonAdminChangesNothing(users: map<UserId, User>, rows: seq<Booking>, actorId: UserId,
                               bookingId: BookingId, newId: UserId, username: string, roleText: string,
                               isRepresentative: bool, target: UserId)
    requires WellFormed(users, rows)
    requires actorId in users && users[actorId].isActive && users[actorId].role != Admin
    ensures ApproveOutcome(users, rows, actorId, bookingId) == Outcome(Err(AdminOnly), rows)
    ensures RejectOutcome(users, rows, actorId, bookingId) == Outcome(Err(AdminOnly), rows)
    ensures newId !in users ==>
              AddUserOutcome(users, rows, actorId, newId, username, roleText, isRepresentative)
                == Change(Err(AdminOnly), users, rows)
    ensures ToggleRepresentativeOutcome(users, rows, actorId, target) == Change(Err(AdminOnly), users, rows)
    ensures ToggleActiveOutcome(users, rows, actorId, target) == Change(Err(AdminOnly), users, rows)
    ensures DeleteUserOutcome(users, rows, actorId, target) == Change(Err(AdminOnly), users, rows)
  {
  }
}
